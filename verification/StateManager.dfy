/** The transition functions and the table search of state.c, as they run. */
module StateManager {
  import opened OccState
  import opened Wrappers

  /** A row of the transition table; no old state means "from any state". */
  datatype Row = Row(oldState: Option<State>, newState: State, fn: Transition)

  const TRANSITIONS: seq<Row> := [
    Row(Some(Standby), Observation, StandbyToObservation),
    Row(Some(Standby), Characterization, StandbyToCharacterization),
    Row(Some(Standby), Active, StandbyToActive),
    Row(Some(Observation), Characterization, ObservationToCharacterization),
    Row(Some(Observation), Active, ObservationToActive),
    Row(Some(Characterization), Observation, CharacterizationToObservation),
    Row(Some(Characterization), Active, CharacterizationToActive),
    Row(Some(Active), Observation, ActiveToObservation),
    Row(Some(Active), Characterization, ActiveToCharacterization),
    Row(None, Standby, AllToStandby),
    Row(None, Safe, AllToSafe)]

  predicate Matches(row: Row, current: State, target: State) {
    (row.oldState == Some(current) || row.oldState == None) && row.newState == target
  }

  class Manager {
    var state: State
    var requested: State
    var external: State
    var mask: set<Flag>
    var latches: Latches
    var wofStateChange: bool
    var trace: seq<Event>
    var transitioning: bool

    ghost function Snapshot(): Smgr
      reads this
    {
      Smgr(state, requested, external, mask, latches, wofStateChange, trace)
    }

    constructor ()
      ensures state == Standby && requested == NoChange && external == NoChange && !transitioning
      ensures mask * STATE_FLAGS == {RtlStandby} && latches == Latches(false, false, false, false) && trace == []
    {
      state, requested, external := Standby, NoChange, NoChange;
      mask, latches := {RtlStandby}, Latches(false, false, false, false);
      wofStateChange, trace, transitioning := false, [], false;
    }

    method Log(e: Event)
      modifies this`trace
      ensures trace == old(trace) + [e]
    {
      trace := trace + [e];
    }

    method ClearRunMask(flags: set<Flag>)
      modifies this`mask
      ensures mask == old(mask) - flags
    {
      mask := mask - flags;
    }

    method SetRunMask(flags: set<Flag>)
      modifies this`mask
      ensures mask == old(mask) + flags
    {
      mask := mask + flags;
    }

    /** Waits for hardware pstates; gives up five seconds after the wait began. */
    method WaitEnabled(e: Environment) returns (enabled: bool)
      requires e.Valid()
      ensures enabled <==> e.EnabledInTime()
    {
      var i := 0;
      while !e.enabledAt(i)
        invariant e.NotBefore(i)
        decreases ENABLE_TIMEOUT_US + SLEEP_US - SLEEP_US * i
      {
        assert e.clockUs(i) >= SLEEP_US * i;
        if e.clockUs(i) > ENABLE_TIMEOUT_US {
          forall k: nat | e.enabledAt(k) ensures !e.NotBefore(k) {
            assert k > i || !e.enabledAt(k);
          }
          return false;
        }
        i := i + 1;
      }
      return true;
    }

    /** Waits while polls are blocked, in steps of 10 us up to the limit. */
    method Wait(blocked: nat -> bool, limit: nat) returns (waitTime: nat)
      ensures waitTime == WaitTime(blocked, limit, 0)
    {
      waitTime := 0;
      var i := 0;
      while blocked(i) && waitTime < limit
        invariant waitTime == SLEEP_US * i
        invariant WaitTime(blocked, limit, i) == WaitTime(blocked, limit, 0)
        decreases limit - waitTime
      {
        waitTime := waitTime + SLEEP_US;
        i := i + 1;
      }
    }

    /** The status byte of the poll response, at the k-th validation of a call. */
    method ValidStates(e: Environment, k: nat) returns (status: bv8)
      requires e.Valid() && k < 2
      ensures status & SMGR_MASK_OBSERVATION_READY == SMGR_MASK_OBSERVATION_READY <==> e.ObservationReady(k)
      ensures status & SMGR_MASK_ACTIVE_READY == SMGR_MASK_ACTIVE_READY <==> e.ActiveReady(k)
    {
      status := 0;
      var obs, act := e.ObservationReady(k), e.ActiveReady(k);
      if obs {
        status := status | SMGR_MASK_OBSERVATION_READY;
      }
      if act {
        status := status | SMGR_MASK_ACTIVE_READY;
      }
      status := status | e.otherStatus;
      ReadyBits(obs, act, e.otherStatus);
    }

    method SmgrStandbyToObservation(e: Environment) returns (err: Errl)
      requires e.Valid()
      modifies this
      ensures Result(Snapshot(), err) == StbObs(old(Snapshot()), e) && transitioning == old(transitioning)
    {
      err := None;
      var status := ValidStates(e, 0);
      var ready := status & SMGR_MASK_OBSERVATION_READY == SMGR_MASK_OBSERVATION_READY;
      Log(ObsReadyCheck(ready));
      if ready {
        latches := latches.(stbObs := false);
        ClearRunMask({RtlStandby});
        SetRunMask({RtlObs});
        state := Observation;
      } else if !latches.stbObs {
        latches := latches.(stbObs := true);
        err := Some(StbToObsFailure);
      }
    }

    /** Clip, start for the characterization owner, wait. */
    method StartCharacterization(e: Environment) returns (ok: bool)
      requires e.Valid()
      modifies this`trace
      ensures trace == old(trace) + CharStart(e).0 && ok == CharStart(e).1
    {
      if e.cores == 0 {
        return true;
      }
      Log(SetClip(e.clipRc));
      if e.clipRc != 0 {
        return false;
      }
      Log(StartPstates(Char, e.startRc));
      if e.startRc != 0 {
        return false;
      }
      ok := WaitEnabled(e);
      Log(CheckEnabled(ok));
    }

    method SmgrStandbyToCharacterization(e: Environment) returns (err: Errl)
      requires e.Valid()
      modifies this
      ensures Result(Snapshot(), err) == StbChr(old(Snapshot()), e) && transitioning == old(transitioning)
    {
      err := None;
      var status := ValidStates(e, 0);
      var ok := status & SMGR_MASK_ACTIVE_READY == SMGR_MASK_ACTIVE_READY;
      Log(ActiveReadyCheck(ok));
      if ok {
        latches := latches.(stbChr := false);
        ok := StartCharacterization(e);
      }
      if ok {
        ClearRunMask({RtlStandby});
        SetRunMask({RtlObs});
        state := Characterization;
      } else if !latches.stbChr {
        latches := latches.(stbChr := true);
        err := Some(StbToChrFailure);
      }
    }

    method SmgrObservationToCharacterization(e: Environment) returns (err: Errl)
      requires e.Valid()
      modifies this
      ensures Result(Snapshot(), err) == ObsChr(old(Snapshot()), e) && transitioning == old(transitioning)
    {
      err := None;
      var status := ValidStates(e, 0);
      var ok := status & SMGR_MASK_ACTIVE_READY == SMGR_MASK_ACTIVE_READY;
      Log(ActiveReadyCheck(ok));
      if ok {
        ok := StartCharacterization(e);
      }
      if ok {
        state := Characterization;
      } else if !latches.obsChr {
        latches := latches.(obsChr := true);
        err := Some(ObsToChrFailure);
      }
    }

    /** Validates for the k-th time in this call, then clip, nominal (KVM), start, wait. */
    method SmgrObservationToActive(e: Environment, k: nat) returns (err: Errl)
      requires e.Valid() && k < 2
      modifies this
      ensures Result(Snapshot(), err) == ObsAct(old(Snapshot()), e, k) && transitioning == old(transitioning)
    {
      err := None;
      var rc: Errl := None;
      var status := ValidStates(e, k);
      var ready := status & SMGR_MASK_ACTIVE_READY == SMGR_MASK_ACTIVE_READY;
      Log(ActiveReadyCheck(ready));
      if ready {
        wofStateChange := false;
        if e.cores != 0 {
          rc := RequestActive(e, k);
        } else {
          ClearRunMask({RtlObs});
          SetRunMask({RtlActive});
          state := Active;
        }
      } else {
        rc := Some(ObsToActFailure);
      }
      if rc.Some? && !latches.obsAct {
        latches := latches.(obsAct := true);
        err := rc;
      }
    }

    /** The PGPE part of the transition to Active, with cores configured. */
    method RequestActive(e: Environment, k: nat) returns (rc: Errl)
      requires e.Valid() && e.cores != 0 && k < 2 && e.ActiveReady(k)
      modifies this
      ensures rc == ObsActRc(e, k)
      ensures trace == old(trace) + ObsActEvents(e, k)[1..]
      ensures state == if ReachesActive(e, k) then Active else old(state)
      ensures mask == if ReachesActive(e, k) then old(mask) - {RtlObs} + {RtlActive} else old(mask)
      ensures latches == if ReachesActive(e, k) then old(latches).(obsAct := false) else old(latches)
      ensures requested == old(requested) && external == old(external)
      ensures wofStateChange == old(wofStateChange) && transitioning == old(transitioning)
    {
      hide Environment.EnabledInTime, Environment.Valid, Covers;
      Log(SetClip(e.clipRc));
      if e.clipRc != 0 {
        return Some(ClipFailure);
      }
      if e.kvm {
        Log(SetNominal(e.nominalRc));
        Log(StartPstates(Host, e.startRc));
      } else {
        Log(StartPstates(Occ, e.startRc));
      }
      if e.startRc != 0 {
        return Some(StartSuspendFailure);
      }
      var enabled := WaitEnabled(e);
      rc := if enabled then None else Some(GenericTimeout);
      Log(CheckEnabled(e.stillEnabled));
      if e.stillEnabled {
        latches := latches.(obsAct := false);
        ClearRunMask({RtlObs});
        SetRunMask({RtlActive});
        state := Active;
      }
    }

    method SmgrCharacterizationToObservation(e: Environment) returns (err: Errl)
      requires e.Valid()
      modifies this
      ensures Result(Snapshot(), err) == ChrObs(old(Snapshot()), e) && transitioning == old(transitioning)
    {
      var rc := 0;
      if e.cores != 0 {
        rc := e.clipRc;
        Log(SetClip(rc));
        if rc == 0 {
          rc := e.stopRc;
          Log(StopPstates(rc));
        }
      }
      if rc != 0 {
        return Some(ChrToObsFailure);
      }
      state := Observation;
      return None;
    }

    method SmgrActiveToObservation(e: Environment) returns (err: Errl)
      requires e.Valid()
      modifies this
      ensures Result(Snapshot(), err) == ActObs(old(Snapshot()), e) && transitioning == old(transitioning)
    {
      wofStateChange := true;
      err := None;
      if e.cores != 0 {
        err := RequestStop(e);
      }
      if err == None {
        ClearRunMask({RtlActive});
        SetRunMask({RtlObs});
        state := Observation;
      }
    }

    /** Clip, settle, stop, wait. The time-out of the settle wait is tested with ">". */
    method RequestStop(e: Environment) returns (err: Errl)
      requires e.Valid() && e.cores != 0
      modifies this`trace
      ensures err == ActObsRc(e)
      ensures trace == ActObs(old(Snapshot()), e).s.trace
    {
      Log(SetClip(e.clipRc));
      if e.clipRc != 0 {
        return Some(NoExtendedRc);
      }
      var waitTime := Wait(e.Settling, e.taskTimeoutUs);
      Log(SettleWait(e.Settling(waitTime / SLEEP_US)));
      if waitTime > e.taskTimeoutUs {
        return Some(TaskTimeout);
      }
      Log(StopPstates(e.stopRc));
      if e.stopRc != 0 {
        return Some(StartSuspendFailure);
      }
      waitTime := Wait(e.Stopping, e.taskTimeoutUs);
      if waitTime >= e.taskTimeoutUs {
        return Some(ActToObsTimeout);
      }
      return None;
    }

    /** Clip, settle, start for the characterization owner, wait. */
    method RequestOwnerChange(e: Environment) returns (ok: bool)
      requires e.Valid() && e.cores != 0
      modifies this`trace
      ensures trace == old(trace) + ChangeOwner(e).0 && ok == ChangeOwner(e).1
    {
      Log(SetClip(e.clipRc));
      if e.clipRc != 0 {
        return false;
      }
      var waitTime := Wait(e.Settling, e.taskTimeoutUs);
      Log(SettleWait(e.Settling(waitTime / SLEEP_US)));
      if waitTime >= e.taskTimeoutUs {
        return false;
      }
      Log(StartPstates(Char, e.startRc));
      if e.startRc != 0 {
        return false;
      }
      ok := WaitEnabled(e);
      Log(CheckEnabled(ok));
    }

    method SmgrActiveToCharacterization(e: Environment) returns (err: Errl)
      requires e.Valid()
      modifies this
      ensures Result(Snapshot(), err) == ActChr(old(Snapshot()), e) && transitioning == old(transitioning)
    {
      wofStateChange := true;
      var ok := true;
      if e.cores != 0 {
        ok := RequestOwnerChange(e);
      }
      if !ok {
        return Some(ActToChrFailure);
      }
      ClearRunMask({RtlActive});
      SetRunMask({RtlObs});
      state := Characterization;
      return None;
    }

    method SmgrStandbyToActive(e: Environment) returns (err: Errl)
      requires e.Valid()
      modifies this
      ensures Result(Snapshot(), err) == StbAct(old(Snapshot()), e) && transitioning == old(transitioning)
    {
      err := SmgrStandbyToObservation(e);
      if err == None {
        err := SmgrObservationToActive(e, 1);
      }
    }

    method SmgrAllToStandby(e: Environment) returns (err: Errl)
      modifies this
      ensures Result(Snapshot(), err) == ToStandby(old(Snapshot())) && transitioning == old(transitioning)
    {
      wofStateChange := true;
      var _ := Wait(e.Settling, e.taskTimeoutUs);
      ClearRunMask({RtlActive, RtlObs});
      SetRunMask({RtlStandby});
      state := Standby;
      return None;
    }

    method SmgrAllToSafe(e: Environment) returns (err: Errl)
      modifies this
      ensures Result(Snapshot(), err) == ToSafe(old(Snapshot()), e) && transitioning == old(transitioning)
    {
      if e.master {
        external := Safe;
      }
      wofStateChange := true;
      ClearRunMask({RtlActive, RtlObs, RtlStandby});
      SetRunMask({RtlRstReq});
      state := Safe;
      return None;
    }

    /** Runs the function of a table row. */
    method RunTransition(t: Transition, e: Environment) returns (err: Errl)
      requires e.Valid()
      modifies this
      ensures Result(Snapshot(), err) == Apply(t, old(Snapshot()), e) && transitioning == old(transitioning)
    {
      match t
      case StandbyToObservation => err := SmgrStandbyToObservation(e);
      case StandbyToCharacterization => err := SmgrStandbyToCharacterization(e);
      case StandbyToActive => err := SmgrStandbyToActive(e);
      case ObservationToCharacterization => err := SmgrObservationToCharacterization(e);
      case ObservationToActive => err := SmgrObservationToActive(e, 0);
      case CharacterizationToObservation => err := SmgrCharacterizationToObservation(e);
      case CharacterizationToActive => err := SmgrObservationToActive(e, 0);
      case ActiveToObservation => err := SmgrActiveToObservation(e);
      case ActiveToCharacterization => err := SmgrActiveToCharacterization(e);
      case AllToStandby => err := SmgrAllToStandby(e);
      case AllToSafe => err := SmgrAllToSafe(e);
    }

    /** The first row of the table that matches. */
    method FindTransition(target: State) returns (t: Option<Transition>)
      requires state in {Standby, Observation, Active, Safe, Characterization}
      ensures t == Lookup(state, target)
    {
      var jj := 0;
      while jj < |TRANSITIONS|
        invariant 0 <= jj <= |TRANSITIONS|
        invariant forall k :: 0 <= k < jj ==> !Matches(TRANSITIONS[k], state, target)
      {
        if Matches(TRANSITIONS[jj], state, target) {
          RowIsLookup(jj, state, target);
          return Some(TRANSITIONS[jj].fn);
        }
        jj := jj + 1;
      }
      LookupHasRow(state, target);
      return None;
    }

    method SmgrSetState(target: State, e: Environment) returns (err: Errl)
      requires e.Valid() && !transitioning
      requires state in {Standby, Observation, Active, Safe, Characterization}
      modifies this
      ensures Result(Snapshot(), err) == SetState(old(Snapshot()), e, target) && !transitioning
    {
      err := None;
      if e.semaphoreFails {
        return Some(SemaphoreFailure);
      }
      if target == NoChange {
        return;
      }
      var t := FindTransition(target);
      if t == None {
        return Some(NoValidTransition);
      }
      transitioning := true;
      err := RunTransition(t.value, e);
      transitioning := false;
      if state == requested {
        requested := NoChange;
      }
    }
  }

  lemma ReadyBits(obs: bool, act: bool, other: bv8)
    requires other & 3 == 0
    ensures var none: bv8 := 0;
            var o := if obs then none | 2 else none;
            var oa := if act then o | 1 else o;
            && ((oa | other) & 2 == 2 <==> obs) && ((oa | other) & 1 == 1 <==> act)
  {
  }

  /** Any row that matches is the one Lookup gives: at most one row matches a pair. */
  lemma RowIsLookup(j: nat, current: State, target: State)
    requires j < |TRANSITIONS| && Matches(TRANSITIONS[j], current, target)
    ensures Lookup(current, target) == Some(TRANSITIONS[j].fn)
  {
  }

  lemma LookupHasRow(current: State, target: State)
    ensures Lookup(current, target).Some? ==>
              exists k :: 0 <= k < |TRANSITIONS| && Matches(TRANSITIONS[k], current, target)
  {
    if Lookup(current, target).Some? {
      match Lookup(current, target).value {
        case StandbyToObservation => assert Matches(TRANSITIONS[0], current, target);
        case StandbyToCharacterization => assert Matches(TRANSITIONS[1], current, target);
        case StandbyToActive => assert Matches(TRANSITIONS[2], current, target);
        case ObservationToCharacterization => assert Matches(TRANSITIONS[3], current, target);
        case ObservationToActive => assert Matches(TRANSITIONS[4], current, target);
        case CharacterizationToObservation => assert Matches(TRANSITIONS[5], current, target);
        case CharacterizationToActive => assert Matches(TRANSITIONS[6], current, target);
        case ActiveToObservation => assert Matches(TRANSITIONS[7], current, target);
        case ActiveToCharacterization => assert Matches(TRANSITIONS[8], current, target);
        case AllToStandby => assert Matches(TRANSITIONS[9], current, target);
        case AllToSafe => assert Matches(TRANSITIONS[10], current, target);
      }
    }
  }
}
