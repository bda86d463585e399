/** The state manager (state.c): a first-match transition table whose functions talk to
    the PGPE, update the deferred run mask and latch the errors they have logged. */
module OccState {
  import opened Wrappers

  datatype State = NoChange | Standby | Observation | Active | Safe | Characterization | Unlisted

  /** The flags of the deferred run mask. */
  datatype Flag = RtlStandby | RtlObs | RtlActive | RtlRstReq | RtlOther(bit: nat)

  const STATE_FLAGS: set<Flag> := {RtlStandby, RtlObs, RtlActive}

  datatype Owner = Host | Occ | Char
  datatype PstateStatus = Disabled | InTransition | Enabled | Failed

  datatype ExtRc =
    | StbToObsFailure | StbToChrFailure | ChrToObsFailure | ObsToChrFailure | ObsToActFailure | ActToChrFailure
    | ClipFailure | StartSuspendFailure | GenericTimeout | TaskTimeout | ActToObsTimeout | NoExtendedRc
    | NoValidTransition | SemaphoreFailure

  type Errl = Option<ExtRc>

  /** What a call does with the PGPE, and the checks it makes on the way. */
  datatype Event =
    | ObsReadyCheck(ready: bool)
    | ActiveReadyCheck(ready: bool)
    | SetClip(rc: nat)
    | SetNominal(rc: nat)
    | StartPstates(owner: Owner, rc: nat)
    | SettleWait(stillRunning: bool)
    | StopPstates(rc: nat)
    | CheckEnabled(enabled: bool)

  const SLEEP_US: nat := 10
  const ENABLE_TIMEOUT_US: nat := 5_000_000

  const SMGR_MASK_ACTIVE_READY: bv8 := 0x01
  const SMGR_MASK_OBSERVATION_READY: bv8 := 0x02

  /** Every bit of a mask is set in the data. */
  predicate Covers(data: bv32, mask: bv32) {
    data & mask == mask
  }

  /** Everything one call sees of the rest of the firmware: configuration data at its first
      and second validation, system type, answers of the PGPE calls, and what the polling
      loops read at their i-th poll, with the microseconds since the wait began. */
  datatype Environment = Environment(
    semaphoreFails: bool, data: seq<bv32>, obsMask: bv32, actMask: bv32, otherStatus: bv8,
    cores: nat, kvm: bool, master: bool,
    clipRc: nat, nominalRc: nat, startRc: nat, stopRc: nat,
    enabledAt: nat -> bool, clockUs: nat -> nat, stillEnabled: bool,
    settlingAt: nat -> PstateStatus, stoppingAt: nat -> PstateStatus, taskTimeoutUs: nat)
  {
    /** Each poll of the enable wait sleeps for at least 10 us; the status bits other than
        the two ready bits never overlap them. */
    ghost predicate Valid() {
      && |data| == 2
      && (forall i: nat :: clockUs(i) >= SLEEP_US * i)
      && otherStatus & 3 == 0
    }

    predicate ObservationReady(k: nat)
      requires |data| == 2 && k < 2
    {
      Covers(data[k], obsMask)
    }

    predicate ActiveReady(k: nat)
      requires |data| == 2 && k < 2
    {
      Covers(data[k], actMask)
    }

    /** Hardware pstates are seen enabled before the five-second wait gives up. */
    ghost predicate EnabledInTime() {
      exists i: nat :: enabledAt(i) && NotBefore(i)
    }

    ghost predicate NotBefore(i: nat) {
      forall j: nat :: j < i ==> !enabledAt(j) && clockUs(j) <= ENABLE_TIMEOUT_US
    }

    /** While the previous start/suspend request is still running. */
    predicate Settling(i: nat) {
      settlingAt(i) == InTransition
    }

    predicate Stopping(i: nat) {
      stoppingAt(i) != Disabled
    }
  }

  /** The time a wait loop accumulates: 10 us per blocked poll, up to the limit. */
  function WaitTime(blocked: nat -> bool, limit: nat, i: nat): (t: nat)
    ensures t >= SLEEP_US * i && t % SLEEP_US == 0
    ensures t >= limit || !blocked(t / SLEEP_US)
    decreases limit - SLEEP_US * i
  {
    if blocked(i) && SLEEP_US * i < limit then WaitTime(blocked, limit, i + 1) else SLEEP_US * i
  }

  /** The four static "error already logged" latches. */
  datatype Latches = Latches(stbObs: bool, stbChr: bool, obsChr: bool, obsAct: bool)

  datatype Smgr = Smgr(state: State, requested: State, external: State, mask: set<Flag>, latches: Latches,
                       wofStateChange: bool, trace: seq<Event>)

  datatype Result = Result(s: Smgr, err: Errl)

  datatype Transition =
    | StandbyToObservation | StandbyToCharacterization | StandbyToActive
    | ObservationToCharacterization | ObservationToActive
    | CharacterizationToObservation | CharacterizationToActive
    | ActiveToObservation | ActiveToCharacterization | AllToStandby | AllToSafe

  // ---------- What each transition does ----------

  ghost function Moved(s: Smgr, state: State, clear: set<Flag>, set_: set<Flag>): Smgr {
    s.(state := state, mask := s.mask - clear + set_)
  }

  ghost function StbObs(s: Smgr, e: Environment): Result
    requires e.Valid()
  {
    var traced := s.(trace := s.trace + [ObsReadyCheck(e.ObservationReady(0))]);
    if e.ObservationReady(0) then
      Result(Moved(traced, Observation, {RtlStandby}, {RtlObs}).(latches := s.latches.(stbObs := false)), None)
    else
      Result(traced.(latches := s.latches.(stbObs := true)), if s.latches.stbObs then None else Some(StbToObsFailure))
  }

  /** The PGPE part shared by the transitions into Characterization: clip, start for the
      characterization owner, and the wait. Returns the events and whether it succeeded. */
  ghost function CharStart(e: Environment): (seq<Event>, bool)
    requires e.Valid()
  {
    if e.cores == 0 then ([], true)
    else if e.clipRc != 0 then ([SetClip(e.clipRc)], false)
    else if e.startRc != 0 then ([SetClip(0), StartPstates(Char, e.startRc)], false)
    else ([SetClip(0), StartPstates(Char, 0), CheckEnabled(e.EnabledInTime())], e.EnabledInTime())
  }

  ghost function StbChr(s: Smgr, e: Environment): Result
    requires e.Valid()
  {
    var ready := e.ActiveReady(0);
    var (events, started) := if ready then CharStart(e) else ([], false);
    var traced := s.(trace := s.trace + [ActiveReadyCheck(ready)] + events,
                     latches := if ready then s.latches.(stbChr := false) else s.latches);
    if started then Result(Moved(traced, Characterization, {RtlStandby}, {RtlObs}), None)
    else Result(traced.(latches := traced.latches.(stbChr := true)),
                if traced.latches.stbChr then None else Some(StbToChrFailure))
  }

  ghost function ObsChr(s: Smgr, e: Environment): Result
    requires e.Valid()
  {
    var ready := e.ActiveReady(0);
    var (events, started) := if ready then CharStart(e) else ([], false);
    var traced := s.(trace := s.trace + [ActiveReadyCheck(ready)] + events);
    if started then Result(Moved(traced, Characterization, {}, {}), None)
    else Result(traced.(latches := s.latches.(obsChr := true)),
                if s.latches.obsChr then None else Some(ObsToChrFailure))
  }

  /** Observation to Active, at the k-th validation of the call: whether Active is reached,
      the return code it would log, and what the PGPE is asked. After a time-out the
      enabled status is read once more, so both can happen. */
  ghost predicate ReachesActive(e: Environment, k: nat)
    requires e.Valid() && k < 2
  {
    e.ActiveReady(k) && (e.cores == 0 || (e.clipRc == 0 && e.startRc == 0 && e.stillEnabled))
  }

  ghost function ObsActRc(e: Environment, k: nat): Errl
    requires e.Valid() && k < 2
  {
    if !e.ActiveReady(k) then Some(ObsToActFailure)
    else if e.cores == 0 then None
    else if e.clipRc != 0 then Some(ClipFailure)
    else if e.startRc != 0 then Some(StartSuspendFailure)
    else if !e.EnabledInTime() then Some(GenericTimeout)
    else None
  }

  function RunOwner(e: Environment): Owner {
    if e.kvm then Host else Occ
  }

  ghost function ObsActEvents(e: Environment, k: nat): seq<Event>
    requires e.Valid() && k < 2
  {
    if !e.ActiveReady(k) then [ActiveReadyCheck(false)]
    else if e.cores == 0 then [ActiveReadyCheck(true)]
    else if e.clipRc != 0 then [ActiveReadyCheck(true), SetClip(e.clipRc)]
    else
      [ActiveReadyCheck(true), SetClip(0)] + (if e.kvm then [SetNominal(e.nominalRc)] else [])
      + [StartPstates(RunOwner(e), e.startRc)]
      + (if e.startRc != 0 then [] else [CheckEnabled(e.stillEnabled)])
  }

  ghost function ObsAct(s: Smgr, e: Environment, k: nat): Result
    requires e.Valid() && k < 2
  {
    var reached := ReachesActive(e, k);
    var rc := ObsActRc(e, k);
    var latch := s.latches.obsAct && !(reached && e.cores != 0);
    var s' := s.(trace := s.trace + ObsActEvents(e, k),
                 latches := s.latches.(obsAct := latch || rc.Some?),
                 wofStateChange := s.wofStateChange && !e.ActiveReady(k));
    Result(if reached then Moved(s', Active, {RtlObs}, {RtlActive}) else s', if latch then None else rc)
  }

  ghost function ChrObs(s: Smgr, e: Environment): Result
    requires e.Valid()
  {
    var events :=
      if e.cores == 0 then []
      else if e.clipRc != 0 then [SetClip(e.clipRc)]
      else [SetClip(0), StopPstates(e.stopRc)];
    var traced := s.(trace := s.trace + events);
    if e.cores == 0 || (e.clipRc == 0 && e.stopRc == 0) then Result(Moved(traced, Observation, {}, {}), None)
    else Result(traced, Some(ChrToObsFailure))
  }

  /** Microseconds spent waiting for a previous start/suspend request to settle. */
  ghost function SettleTime(e: Environment): nat {
    WaitTime(e.Settling, e.taskTimeoutUs, 0)
  }

  ghost function StopTime(e: Environment): nat {
    WaitTime(e.Stopping, e.taskTimeoutUs, 0)
  }

  /** A previous request was still running when the settle wait ended. */
  ghost predicate StillSettling(e: Environment) {
    e.Settling(SettleTime(e) / SLEEP_US)
  }

  ghost function ActObsRc(e: Environment): Errl {
    if e.cores == 0 then None
    else if e.clipRc != 0 then Some(NoExtendedRc)
    else if SettleTime(e) > e.taskTimeoutUs then Some(TaskTimeout)
    else if e.stopRc != 0 then Some(StartSuspendFailure)
    else if StopTime(e) >= e.taskTimeoutUs then Some(ActToObsTimeout)
    else None
  }

  ghost function ActObs(s: Smgr, e: Environment): Result
    requires e.Valid()
  {
    var events :=
      if e.cores == 0 then []
      else if e.clipRc != 0 then [SetClip(e.clipRc)]
      else if SettleTime(e) > e.taskTimeoutUs then [SetClip(0), SettleWait(StillSettling(e))]
      else [SetClip(0), SettleWait(StillSettling(e)), StopPstates(e.stopRc)];
    var s' := s.(trace := s.trace + events, wofStateChange := true);
    Result(if ActObsRc(e) == None then Moved(s', Observation, {RtlActive}, {RtlObs}) else s', ActObsRc(e))
  }

  /** The PGPE part of Active to Characterization, with cores configured; here the
      settle wait's time-out is tested with ">=". */
  ghost function ChangeOwner(e: Environment): (seq<Event>, bool)
    requires e.Valid()
  {
    var settle := [SetClip(0), SettleWait(StillSettling(e))];
    if e.clipRc != 0 then ([SetClip(e.clipRc)], false)
    else if SettleTime(e) >= e.taskTimeoutUs then (settle, false)
    else if e.startRc != 0 then (settle + [StartPstates(Char, e.startRc)], false)
    else (settle + [StartPstates(Char, 0), CheckEnabled(e.EnabledInTime())], e.EnabledInTime())
  }

  ghost function ActChr(s: Smgr, e: Environment): Result
    requires e.Valid()
  {
    var (events, started) := if e.cores == 0 then ([], true) else ChangeOwner(e);
    var s' := s.(trace := s.trace + events, wofStateChange := true);
    if started then Result(Moved(s', Characterization, {RtlActive}, {RtlObs}), None)
    else Result(s', Some(ActToChrFailure))
  }

  ghost function ToStandby(s: Smgr): Result {
    Result(Moved(s, Standby, {RtlActive, RtlObs}, {RtlStandby}).(wofStateChange := true), None)
  }

  ghost function ToSafe(s: Smgr, e: Environment): Result {
    var s' := Moved(s, Safe, STATE_FLAGS, {RtlRstReq}).(wofStateChange := true);
    Result(if e.master then s'.(external := Safe) else s', None)
  }

  ghost function StbAct(s: Smgr, e: Environment): Result
    requires e.Valid()
  {
    var first := StbObs(s, e);
    if first.err.Some? then first else ObsAct(first.s, e, 1)
  }

  ghost function Apply(t: Transition, s: Smgr, e: Environment): Result
    requires e.Valid()
  {
    match t
    case StandbyToObservation => StbObs(s, e)
    case StandbyToCharacterization => StbChr(s, e)
    case StandbyToActive => StbAct(s, e)
    case ObservationToCharacterization => ObsChr(s, e)
    case ObservationToActive => ObsAct(s, e, 0)
    case CharacterizationToObservation => ChrObs(s, e)
    case CharacterizationToActive => ObsAct(s, e, 0)
    case ActiveToObservation => ActObs(s, e)
    case ActiveToCharacterization => ActChr(s, e)
    case AllToStandby => ToStandby(s)
    case AllToSafe => ToSafe(s, e)
  }

  /** The transition for a pair of states, if the table has one. */
  function Lookup(current: State, target: State): Option<Transition> {
    match target
    case Standby => Some(AllToStandby)
    case Safe => Some(AllToSafe)
    case Observation =>
      (match current
       case Standby => Some(StandbyToObservation)
       case Characterization => Some(CharacterizationToObservation)
       case Active => Some(ActiveToObservation)
       case _ => None)
    case Characterization =>
      (match current
       case Standby => Some(StandbyToCharacterization)
       case Observation => Some(ObservationToCharacterization)
       case Active => Some(ActiveToCharacterization)
       case _ => None)
    case Active =>
      (match current
       case Standby => Some(StandbyToActive)
       case Observation => Some(ObservationToActive)
       case Characterization => Some(CharacterizationToActive)
       case _ => None)
    case _ => None
  }

  ghost function SetState(s: Smgr, e: Environment, target: State): Result
    requires e.Valid()
  {
    if e.semaphoreFails then Result(s, Some(SemaphoreFailure))
    else if target == NoChange then Result(s, None)
    else
      match Lookup(s.state, target)
      case None => Result(s, Some(NoValidTransition))
      case Some(t) =>
        var r := Apply(t, s, e);
        r.(s := if r.s.state == r.s.requested then r.s.(requested := NoChange) else r.s)
  }
}
